/** The parsers of the task-scheduling form
    (frontend/src/features/TaskSchedule/components/TaskSchedulingForm.tsx):
    `parseSetupMatrix` and `parseFamilies` read the form's text fields line
    by line into records, and the submit handler reads the task list. The
    regular expressions they apply are modelled as functions that find the
    leftmost match, taking at each start the match JavaScript's
    backtracking engine settles on first. */
module TaskForm {
  import opened Wrappers
  import opened Strings
  import opened JsRecords
  import TaskFormat
  import SetupMatrices

  /** `\s*` from position `p`: where the run of white space ends. */
  function SkipSpaces(s: string, p: nat): (q: nat)
    requires p <= |s|
    ensures p <= q <= |s| && forall k :: p <= k < q ==> IsJsSpace(s[k])
    ensures q < |s| ==> !IsJsSpace(s[q])
    decreases |s| - p
  {
    if p < |s| && IsJsSpace(s[p]) then SkipSpaces(s, p + 1) else p
  }

  /** The groups of `\((\d+),(\d+)\):\s*(\d+(?:\.\d+)?)`: the two ids as
      written and the cost's whole and fraction digits. */
  datatype CostMatch = CostMatch(from: string, to: string, whole: string, frac: string)

  /** `(digits,digits):` at `p`: the two digit runs and where the colon ends. */
  function KeyAt(s: string, p: nat): (m: Option<(string, string, nat)>)
    requires p <= |s|
    ensures m.Some? ==> |m.value.0| > 0 && AllDigits(m.value.0) && |m.value.1| > 0 && AllDigits(m.value.1)
    ensures m.Some? ==> m.value.2 == p + |m.value.0| + |m.value.1| + 4 <= |s|
  {
    if p < |s| && s[p] == '(' then
      var from := DigitsAt(s, p + 1);
      var q := p + 1 + |from|;
      if from != [] && q < |s| && s[q] == ',' then
        var to := DigitsAt(s, q + 1);
        var r := q + 1 + |to|;
        if to != [] && r + 1 < |s| && s[r] == ')' && s[r + 1] == ':' then Some((from, to, r + 2))
        else None
      else None
    else None
  }

  /** The cost pattern matched at exactly position `p`. Each `\d+` takes
      all the digits there are (the ids are followed by `,` and `)`, which
      are not digits), `\s*` takes all the white space (a digit must
      follow), and the fraction is taken when it can be. */
  function CostMatchAt(s: string, p: nat): (m: Option<CostMatch>)
    requires p <= |s|
    ensures m.Some? ==> |m.value.from| > 0 && AllDigits(m.value.from) && |m.value.to| > 0 && AllDigits(m.value.to)
    ensures m.Some? ==> |m.value.whole| > 0 && AllDigits(m.value.whole) && AllDigits(m.value.frac)
  {
    var key := KeyAt(s, p);
    if key.None? then None
    else
      var n := CostAt(s, key.value.2);
      if n.None? then None
      else Some(CostMatch(key.value.0, key.value.1, n.value.0, n.value.1))
  }

  /** `\s*(\d+(?:\.\d+)?)` at `h`: the cost after the white space. */
  function CostAt(s: string, h: nat): Option<(string, string, nat)>
    requires h <= |s|
  {
    MatchNumber(s, SkipSpaces(s, h))
  }

  /** The leftmost position from `p` up to `n` that passes `ok`: how
      `String.prototype.match` tries each start in turn. */
  function First(ok: nat -> bool, p: nat, n: nat): (q: Option<nat>)
    requires p <= n
    ensures q.Some? ==> p <= q.value <= n && ok(q.value) && forall k :: p <= k < q.value ==> !ok(k)
    ensures q.None? ==> forall k :: p <= k <= n ==> !ok(k)
    decreases n - p
  {
    if ok(p) then Some(p) else if p == n then None else First(ok, p + 1, n)
  }

  /** The starts at which the cost pattern matches `s`. */
  function CostMatches(s: string): nat -> bool
  {
    (k: nat) => k <= |s| && CostMatchAt(s, k).Some?
  }

  /** `line.match(...)` with the cost pattern. */
  function MatchCost(line: string): (m: Option<CostMatch>)
    ensures m.Some? ==> |m.value.whole| > 0 && AllDigits(m.value.whole) && AllDigits(m.value.frac)
  {
    var q := First(CostMatches(line), 0, |line|);
    if q.None? then None else CostMatchAt(line, q.value)
  }

  /** What one line of the setup field writes: the key `(from,to)` with the
      ids as written, and `parseFloat` of the cost. */
  function CostEntry(line: string): Option<(string, Decimal)>
  {
    var m := MatchCost(line);
    if m.None? then None
    else Some(("(" + m.value.from + "," + m.value.to + ")", ParseFloat(m.value.whole, m.value.frac)))
  }

  function ApplyCost(r: StrRecord, e: Option<(string, Decimal)>): (r': StrRecord)
    requires UniqueKeys(r)
    ensures UniqueKeys(r')
  {
    if e.None? then r
    else
      PutGet(r, e.value.0, e.value.1, e.value.0);
      Put(r, e.value.0, e.value.1)
  }

  /** The record that `lines` build, line after line, when `entry` says
      what each line writes. */
  function Fill(entry: string -> Option<(string, Decimal)>, lines: seq<string>): (r: StrRecord)
    ensures UniqueKeys(r)
  {
    if lines == [] then [] else ApplyCost(Fill(entry, lines[..|lines| - 1]), entry(lines[|lines| - 1]))
  }

  /** The record the setup lines build. */
  function SetupMatrixOf(lines: seq<string>): StrRecord
  {
    Fill(CostEntry, lines)
  }

  /** What `parseSetupMatrix` makes of the field's text. */
  function SetupMatrixText(matrixStr: string): StrRecord
  {
    SetupMatrixOf(Split(JsTrim(matrixStr), '\n'))
  }

  /** `parseSetupMatrix`: every line holding the cost pattern writes its
      entry into the record. */
  method ParseSetupMatrix(matrixStr: string) returns (setupMatrix: StrRecord)
    ensures setupMatrix == SetupMatrixText(matrixStr)
    ensures UniqueKeys(setupMatrix)
  {
    var lines := Split(JsTrim(matrixStr), '\n');
    setupMatrix := [];
    var i := 0;
    while i < |lines|
      invariant 0 <= i <= |lines| && setupMatrix == SetupMatrixOf(lines[..i])
    {
      SetupMatrixPrefix(lines, i);
      setupMatrix := ReadCostLine(lines[i], setupMatrix);
      i := i + 1;
    }
    assert lines[..i] == lines;
  }

  /** One turn of the loop of `parseSetupMatrix`. */
  method ReadCostLine(line: string, setupMatrix: StrRecord) returns (setupMatrix': StrRecord)
    requires UniqueKeys(setupMatrix)
    ensures setupMatrix' == ApplyCost(setupMatrix, CostEntry(line))
  {
    setupMatrix' := setupMatrix;
    var found := MatchCost(line);
    if found.Some? {
      var from, to, cost := found.value.from, found.value.to, found.value.whole;
      var key := "(" + from + "," + to + ")";
      setupMatrix' := Put(setupMatrix, key, ParseFloat(cost, found.value.frac));
    }
  }

  lemma SetupMatrixPrefix(lines: seq<string>, i: nat)
    requires i < |lines|
    ensures SetupMatrixOf(lines[..i + 1]) == ApplyCost(SetupMatrixOf(lines[..i]), CostEntry(lines[i]))
  {
    assert lines[..i + 1][..i] == lines[..i];
  }

  /** The line that matches sets its key to its cost, a later line with the
      same key overwriting an earlier one; a line that does not match
      changes nothing. */
  lemma SetupMatrixLast(lines: seq<string>, line: string, k: string)
    ensures Get(SetupMatrixOf(lines + [line]), k) ==
      if CostEntry(line).Some? && CostEntry(line).value.0 == k then Some(CostEntry(line).value.1)
      else Get(SetupMatrixOf(lines), k)
  {
    assert (lines + [line])[..|lines|] == lines;
    var e := CostEntry(line);
    if e.Some? {
      PutGet(SetupMatrixOf(lines), e.value.0, e.value.1, k);
    }
  }

  /** A matched key is the text it was matched in. */
  lemma KeyAtSound(s: string, p: nat)
    requires p <= |s| && KeyAt(s, p).Some?
    ensures var (from, to, h) := KeyAt(s, p).value; s[p..h] == "(" + from + "," + to + "):"
  {
    var (from, to, h) := KeyAt(s, p).value;
    var i := p + 1 + |from|;
    var j := i + 1 + |to|;
    assert s[p..i] == [s[p]] + from;
    assert s[i..j] == [s[i]] + to;
    assert s[p..h] == s[p..i] + s[i..j] + s[j..h];
  }

  /** A matched line holds `(from,to):` where the match starts ... */
  lemma CostMatchKeySound(s: string, p: nat)
    requires p <= |s| && CostMatchAt(s, p).Some?
    ensures var m := CostMatchAt(s, p).value;
            var h := p + |m.from| + |m.to| + 4;
            h <= |s| && s[p..h] == "(" + m.from + "," + m.to + "):"
  {
    var key := KeyAt(s, p).value;
    assert CostMatchAt(s, p).value.from == key.0 && CostMatchAt(s, p).value.to == key.1;
    KeyAtSound(s, p);
  }

  /** ... and, after the white space that follows, the cost as written. */
  lemma CostMatchNumberSound(s: string, p: nat)
    requires p <= |s| && CostMatchAt(s, p).Some?
    ensures var m := CostMatchAt(s, p).value;
            var q := SkipSpaces(s, p + |m.from| + |m.to| + 4);
            var n := NumberText(m.whole, m.frac);
            q + |n| <= |s| && s[q..q + |n|] == n
  {
    var key := KeyAt(s, p).value;
    var q := SkipSpaces(s, key.2);
    var m := CostMatchAt(s, p).value;
    assert m.whole == MatchNumber(s, q).value.0 && m.frac == MatchNumber(s, q).value.1;
    assert p + |m.from| + |m.to| + 4 == key.2;
    NumberTextAt(s, q, m.whole, m.frac);
  }

  /** The number matched at `q` is the text found there. */
  lemma NumberTextAt(s: string, q: nat, whole: string, frac: string)
    requires q <= |s| && MatchNumber(s, q).Some?
    requires MatchNumber(s, q).value.0 == whole && MatchNumber(s, q).value.1 == frac
    ensures q + |NumberText(whole, frac)| <= |s| && s[q..q + |NumberText(whole, frac)|] == NumberText(whole, frac)
  {
    MatchNumberSound(s, q);
  }

  /** A key `formatTaskDataForDisplay` writes for two task ids, neither negative. */
  ghost predicate TaskKey(key: string)
  {
    exists i: nat, j: nat :: key == SetupMatrices.KeyString(i, j)
  }

  /** `(a,b):` followed by anything is a key match at the start. */
  lemma KeyAtComplete(a: string, b: string, rest: string)
    requires |a| > 0 && AllDigits(a) && |b| > 0 && AllDigits(b)
    ensures KeyAt("(" + a + "," + b + "):" + rest, 0) == Some((a, b, |a| + |b| + 4))
  {
    var s := "(" + a + "," + b + "):" + rest;
    var i := 1 + |a|;
    var j := i + 1 + |b|;
    assert s[1..i] == a && s[i] == ',' && s[i + 1..j] == b && s[j] == ')' && s[j + 1] == ':';
    KeyAtOf(s, a, b);
  }

  lemma KeyAtOf(s: string, a: string, b: string)
    requires |a| > 0 && AllDigits(a) && |b| > 0 && AllDigits(b)
    requires |a| + |b| + 4 <= |s| && s[0] == '('
    requires s[1..1 + |a|] == a && s[1 + |a|] == ','
    requires s[2 + |a|..2 + |a| + |b|] == b && s[2 + |a| + |b|] == ')' && s[3 + |a| + |b|] == ':'
    ensures KeyAt(s, 0) == Some((a, b, |a| + |b| + 4))
  {
    DigitsAtIs(s, 1, a);
    DigitsAtIs(s, 2 + |a|, b);
  }

  /** A setup line as `formatTaskDataForDisplay` writes it matches at its
      start, with the ids and the cost digits as written. */
  lemma CostMatchAtComplete(a: string, b: string, w: string, f: string)
    requires |a| > 0 && AllDigits(a) && |b| > 0 && AllDigits(b)
    requires |w| > 0 && AllDigits(w) && AllDigits(f)
    ensures CostMatchAt("(" + a + "," + b + "):" + (" " + NumberText(w, f)), 0) == Some(CostMatch(a, b, w, f))
  {
    var rest := " " + NumberText(w, f);
    var s := "(" + a + "," + b + "):" + rest;
    KeyAtComplete(a, b, rest);
    assert s[|a| + |b| + 4..] == rest;
    CostMatchAtOf(s, a, b, w, f, |a| + |b| + 4);
  }

  lemma CostMatchAtOf(s: string, a: string, b: string, w: string, f: string, h: nat)
    requires |w| > 0 && AllDigits(w) && AllDigits(f)
    requires KeyAt(s, 0) == Some((a, b, h)) && h <= |s| && s[h..] == " " + NumberText(w, f)
    ensures CostMatchAt(s, 0) == Some(CostMatch(a, b, w, f))
  {
    CostAtComplete(s, h, w, f);
  }

  /** One space and then the cost written to the end is matched as written. */
  lemma CostAtComplete(s: string, h: nat, w: string, f: string)
    requires |w| > 0 && AllDigits(w) && AllDigits(f)
    requires h <= |s| && s[h..] == " " + NumberText(w, f)
    ensures CostAt(s, h) == Some((w, f, |s|))
  {
    assert MatchNumber(s, h + 1) == Some((w, f, |s|)) by {
      assert s[h + 1..] == NumberText(w, f);
      MatchNumberComplete(s, h + 1, w, f);
    }
    assert SkipSpaces(s, h) == h + 1 by {
      assert s[h] == ' ' && s[h + 1] == w[0];
      assert SkipSpaces(s, h + 1) == h + 1;
    }
  }

  /** A written setup line reads back as its entry. */
  lemma SetupLineEntry(key: string, v: Decimal)
    requires TaskKey(key) && Canonical(v)
    ensures CostEntry(key + ": " + Render(v)) == Some((key, v))
  {
    var i: nat, j: nat :| key == SetupMatrices.KeyString(i, j);
    var a, b, w := NatToString(i), NatToString(j), NatToString(v.whole);
    assert key == "(" + a + "," + b + ")";
    var line := key + ": " + Render(v);
    assert line == "(" + a + "," + b + "):" + (" " + NumberText(w, v.frac));
    CostMatchAtComplete(a, b, w, v.frac);
    assert CostMatches(line)(0);
    ParseRender(v);
  }

  /** Reading the setup lines of a record with task keys gives the record back. */
  lemma SetupLinesRoundTrip(r: StrRecord)
    requires UniqueKeys(r) && forall k :: 0 <= k < |r| ==> TaskKey(r[k].0) && Canonical(r[k].1)
    ensures SetupMatrixOf(TaskFormat.SetupLines(r)) == r
  {
    var lines := TaskFormat.SetupLines(r);
    forall k | 0 <= k < |r|
      ensures CostEntry(lines[k]) == Some(r[k])
    {
      SetupLineEntry(r[k].0, r[k].1);
    }
    FillRoundTrip(CostEntry, lines, r);
  }

  /** Lines each reading as the next entry of a record with distinct keys
      build that record. */
  lemma {:induction false} FillRoundTrip(entry: string -> Option<(string, Decimal)>, lines: seq<string>, r: StrRecord)
    requires |lines| == |r| && UniqueKeys(r)
    requires forall k :: 0 <= k < |r| ==> entry(lines[k]) == Some(r[k])
    ensures Fill(entry, lines) == r
  {
    if r != [] {
      var n := |r| - 1;
      var init := r[..n];
      assert Fill(entry, lines[..n]) == init by {
        assert forall k :: 0 <= k < n ==> init[k] == r[k] && lines[..n][k] == lines[k];
        FillRoundTrip(entry, lines[..n], init);
      }
      assert Get(init, r[n].0).None? by {
        GetSpec(init, r[n].0);
      }
      assert init + [r[n]] == r;
    }
  }

  /** No written setup line holds a line break, and none starts or ends
      with white space. */
  lemma SetupLineBreaks(r: StrRecord, k: nat)
    requires k < |r| && TaskKey(r[k].0) && Canonical(r[k].1)
    ensures var line := TaskFormat.SetupLines(r)[k];
            '\n' !in line && |line| > 0 && !IsJsSpace(line[0]) && !IsJsSpace(line[|line| - 1])
  {
    LineShape(r[k].0, r[k].1);
  }

  lemma LineShape(key: string, v: Decimal)
    requires TaskKey(key) && Canonical(v)
    ensures var line := key + ": " + Render(v);
            '\n' !in line && |line| > 0 && !IsJsSpace(line[0]) && !IsJsSpace(line[|line| - 1])
  {
    var i: nat, j: nat :| key == SetupMatrices.KeyString(i, j);
    var a, b := NatToString(i), NatToString(j);
    assert key == "(" + a + "," + b + ")";
    assert '\n' !in a && '\n' !in b;
    var n := Render(v);
    NumberTextShape(NatToString(v.whole), v.frac);
    var line := key + ": " + n;
    assert line[|line| - 1] == n[|n| - 1];
    DigitNotSpace(n[|n| - 1]);
  }

  /** Decimal text is digits, possibly around one point. */
  lemma NumberTextShape(w: string, f: string)
    requires |w| > 0 && AllDigits(w) && AllDigits(f)
    ensures var n := NumberText(w, f); |n| > 0 && '\n' !in n && IsDigit(n[|n| - 1])
  {
    if f != [] {
      assert NumberText(w, f)[|NumberText(w, f)| - 1] == f[|f| - 1];
    }
  }

  lemma DigitNotSpace(c: char)
    requires IsDigit(c)
    ensures !IsJsSpace(c)
  {
  }

  /** The written setup field splits back into its lines. */
  lemma SetupTextLines(r: StrRecord)
    requires r != [] && forall k :: 0 <= k < |r| ==> TaskKey(r[k].0) && Canonical(r[k].1)
    ensures Split(JsTrim(Join(TaskFormat.SetupLines(r), "\n")), '\n') == TaskFormat.SetupLines(r)
  {
    var lines := TaskFormat.SetupLines(r);
    assert forall k :: 0 <= k < |lines| ==> '\n' !in lines[k] && |lines[k]| > 0 by {
      forall k | 0 <= k < |lines|
        ensures '\n' !in lines[k] && |lines[k]| > 0
      {
        SetupLineBreaks(r, k);
      }
    }
    assert !IsJsSpace(lines[0][0]) by {
      SetupLineBreaks(r, 0);
    }
    assert !IsJsSpace(lines[|lines| - 1][|lines[|lines| - 1]| - 1]) by {
      SetupLineBreaks(r, |r| - 1);
    }
    TrimmedLines(lines);
  }

  /** Round trip: the setup field `formatTaskDataForDisplay` writes for a
      record with task keys and exact costs is read back by
      `parseSetupMatrix` as that record. */
  lemma SetupMatrixRoundTrip(data: TaskSchedulingData)
    requires UniqueKeys(data.setupMatrix)
    requires forall k :: 0 <= k < |data.setupMatrix| ==> TaskKey(data.setupMatrix[k].0) && Canonical(data.setupMatrix[k].1)
    ensures SetupMatrixText(TaskFormat.FormatTaskData(data).setupMatrixString) == data.setupMatrix
  {
    var r := data.setupMatrix;
    if r == [] {
      assert TaskFormat.FormatTaskData(data).setupMatrixString == "";
      assert CostMatchAt("", 0).None?;
    } else {
      SetupTextLines(r);
      SetupLinesRoundTrip(r);
    }
  }

  // The families field.

  /** Where the line that starts at or before `b` ends: the first line
      terminator from `b` on, or the end of the text. */
  function LineEnd(s: string, b: nat): (e: nat)
    requires b <= |s|
    ensures b <= e <= |s| && forall k :: b <= k < e ==> !IsLineTerminator(s[k])
    ensures e < |s| ==> IsLineTerminator(s[e])
    decreases |s| - b
  {
    if b < |s| && !IsLineTerminator(s[b]) then LineEnd(s, b + 1) else b
  }

  /** The last position in `[lo, hi)` that holds no line terminator. */
  function LastNonTerminator(s: string, lo: nat, hi: nat): (k: Option<nat>)
    requires lo <= hi <= |s|
    ensures k.Some? ==> lo <= k.value < hi && !IsLineTerminator(s[k.value])
    ensures k.Some? ==> forall i :: k.value < i < hi ==> IsLineTerminator(s[i])
    ensures k.None? ==> forall i :: lo <= i < hi ==> IsLineTerminator(s[i])
    decreases hi - lo
  {
    if hi == lo then None
    else if !IsLineTerminator(s[hi - 1]) then Some(hi - 1)
    else LastNonTerminator(s, lo, hi - 1)
  }

  /** `\s*(.+)` at `h`: the label. `\s*` first takes all the white space;
      when nothing follows it on the line, it gives back characters from
      the end until `.` (anything but a line terminator) can take one. */
  function LabelAt(s: string, h: nat): (l: Option<string>)
    requires h <= |s|
    ensures l.Some? ==> |l.value| > 0 && forall c :: c in l.value ==> !IsLineTerminator(c)
  {
    var b := SkipSpaces(s, h);
    if b < |s| then Some(s[b..LineEnd(s, b)])
    else
      var k := LastNonTerminator(s, h, |s|);
      if k.None? then None else Some(s[k.value..k.value + 1])
  }

  /** The groups of `(\d+):\s*(.+)` matched at exactly position `p`: the
      task digits (all there are, since `:` must follow) and the label. */
  function FamilyMatchAt(s: string, p: nat): (m: Option<(string, string)>)
    requires p <= |s|
    ensures m.Some? ==> |m.value.0| > 0 && AllDigits(m.value.0)
  {
    var task := DigitsAt(s, p);
    var q := p + |task|;
    if task == [] || q == |s| || s[q] != ':' then None
    else
      var name := LabelAt(s, q + 1);
      if name.None? then None else Some((task, name.value))
  }

  /** The starts at which the family pattern matches `s`. */
  function FamilyMatches(s: string): nat -> bool
  {
    (k: nat) => k <= |s| && FamilyMatchAt(s, k).Some?
  }

  /** What one line of the families field writes: `parseInt` of the task
      digits, and the trimmed label. */
  function FamilyEntry(line: string): Option<(nat, string)>
  {
    var q := First(FamilyMatches(line), 0, |line|);
    if q.None? then None
    else
      var m := FamilyMatchAt(line, q.value).value;
      Some((DigitsToNat(m.0), JsTrim(m.1)))
  }

  /** The integer-keyed record that `lines` build, line after line, when
      `entry` says what each line writes. */
  function FillNum(entry: string -> Option<(nat, string)>, lines: seq<string>): (r: NumRecord)
    ensures Ascending(r)
  {
    if lines == [] then []
    else
      var r := FillNum(entry, lines[..|lines| - 1]);
      var e := entry(lines[|lines| - 1]);
      if e.None? then r else PutNum(r, e.value.0, e.value.1)
  }

  function FamiliesOf(lines: seq<string>): NumRecord
  {
    FillNum(FamilyEntry, lines)
  }

  /** What `parseFamilies` makes of the field's text: nothing for blank
      text or when no line matches. */
  function FamiliesText(familiesStr: string): Option<NumRecord>
  {
    if JsTrim(familiesStr) == "" then None
    else
      var r := FamiliesOf(Split(JsTrim(familiesStr), '\n'));
      if |r| > 0 then Some(r) else None
  }

  /** `parseFamilies`. */
  method ParseFamilies(familiesStr: string) returns (families: Option<NumRecord>)
    ensures families == FamiliesText(familiesStr)
  {
    var text := JsTrim(familiesStr);
    if text == "" {
      return None;
    }
    var record := ReadFamilies(Split(text, '\n'));
    families := if |record| > 0 then Some(record) else None;
  }

  /** The loop of `parseFamilies` over the lines of the field. */
  method ReadFamilies(lines: seq<string>) returns (families: NumRecord)
    ensures families == FamiliesOf(lines)
  {
    families := [];
    var i := 0;
    while i < |lines|
      invariant 0 <= i <= |lines| && families == FamiliesOf(lines[..i])
    {
      FamiliesPrefix(lines, i);
      families := ReadFamilyLine(lines[i], families);
      i := i + 1;
    }
    assert lines[..i] == lines;
  }

  /** One turn of the loop of `parseFamilies`. */
  method ReadFamilyLine(line: string, families: NumRecord) returns (families': NumRecord)
    ensures families' == if FamilyEntry(line).None? then families
                         else PutNum(families, FamilyEntry(line).value.0, FamilyEntry(line).value.1)
  {
    families' := families;
    var q := First(FamilyMatches(line), 0, |line|);
    if q.Some? {
      var found := FamilyMatchAt(line, q.value).value;
      var task, family := found.0, found.1;
      ParseIntDigits(task);
      var key := ParseInt(task).value;
      families' := PutNum(families, key as nat, JsTrim(family));
    }
  }

  lemma FamiliesPrefix(lines: seq<string>, i: nat)
    requires i < |lines|
    ensures var e := FamilyEntry(lines[i]);
            FamiliesOf(lines[..i + 1]) ==
              if e.None? then FamiliesOf(lines[..i]) else PutNum(FamiliesOf(lines[..i]), e.value.0, e.value.1)
  {
    assert lines[..i + 1][..i] == lines[..i];
  }

  /** The line that matches maps its task to its label, a later line for
      the same task overwriting an earlier one; a line that does not match
      changes nothing. */
  lemma FamiliesLast(lines: seq<string>, line: string, t: nat)
    ensures GetNum(FamiliesOf(lines + [line]), t) ==
      if FamilyEntry(line).Some? && FamilyEntry(line).value.0 == t then Some(FamilyEntry(line).value.1)
      else GetNum(FamiliesOf(lines), t)
  {
    assert (lines + [line])[..|lines|] == lines;
    var e := FamilyEntry(line);
    if e.Some? {
      PutNumGet(FamiliesOf(lines), e.value.0, e.value.1, t);
    }
  }

  /** Lines build an empty record exactly when none of them writes. */
  lemma {:induction false} FillNumEmpty(entry: string -> Option<(nat, string)>, lines: seq<string>)
    ensures FillNum(entry, lines) == [] <==> forall k :: 0 <= k < |lines| ==> entry(lines[k]).None?
  {
    if lines != [] {
      var init := lines[..|lines| - 1];
      FillNumEmpty(entry, init);
      assert forall k :: 0 <= k < |init| ==> init[k] == lines[k];
    }
  }

  /** No line of the families field matches the family pattern. */
  predicate NoFamilyLine(lines: seq<string>)
  {
    forall k :: 0 <= k < |lines| ==> FamilyEntry(lines[k]).None?
  }

  /** The lines of the families field build nothing exactly when none of
      them matches. */
  lemma FamiliesOfEmpty(lines: seq<string>)
    ensures |FamiliesOf(lines)| == 0 <==> NoFamilyLine(lines)
  {
    FillNumEmpty(FamilyEntry, lines);
  }

  /** `parseFamilies` gives nothing exactly for blank text or when no line
      matches the family pattern; what it gives is ascending in task. */
  lemma FamiliesNone(familiesStr: string)
    ensures FamiliesText(familiesStr).None? <==>
              JsTrim(familiesStr) == "" || NoFamilyLine(Split(JsTrim(familiesStr), '\n'))
    ensures FamiliesText(familiesStr).Some? ==> Ascending(FamiliesText(familiesStr).value)
  {
    var text := JsTrim(familiesStr);
    if text != "" {
      FamiliesOfEmpty(Split(text, '\n'));
    }
  }

  /** A label that survives being written and read back: not empty, no
      line terminator, and no white space at either end. */
  predicate FamilyLabel(l: string)
  {
    |l| > 0 && !IsJsSpace(l[0]) && !IsJsSpace(l[|l| - 1])
    && forall i :: 0 <= i < |l| ==> !IsLineTerminator(l[i])
  }

  /** The family pattern matches at the start of `s` when `s` holds digits,
      a colon, a space and a label. */
  lemma FamilyMatchAtOf(s: string, a: string, l: string)
    requires |a| > 0 && AllDigits(a) && FamilyLabel(l)
    requires |a| + 2 <= |s| && s[..|a|] == a && s[|a|] == ':' && s[|a| + 1] == ' ' && s[|a| + 2..] == l
    ensures FamilyMatchAt(s, 0) == Some((a, l))
  {
    DigitsAtIs(s, 0, a);
    var b := SkipSpaces(s, |a| + 1);
    assert s[|a| + 2] == l[0];
    assert b == |a| + 2;
    assert forall i :: b <= i < |s| ==> s[i] == l[i - b];
    assert LineEnd(s, b) == |s|;
    assert b < |s| && s[b..|s|] == l;
    assert LabelAt(s, |a| + 1) == Some(l);
  }

  /** A family line as `formatTaskDataForDisplay` writes it is read back as
      its task and label. */
  lemma FamilyLineEntry(t: nat, l: string)
    requires FamilyLabel(l)
    ensures FamilyEntry(NatToString(t) + ": " + l) == Some((t, l))
  {
    var a := NatToString(t);
    var line := a + ": " + l;
    FamilyMatchAtOf(line, a, l);
    assert FamilyMatches(line)(0);
    NatToStringRoundTrip(t);
    TrimIdentity(l, JsSpace);
  }

  /** Writing a key above every key of an ascending record appends it. */
  lemma {:induction false} PutNumLast(r: NumRecord, k: nat, v: string)
    requires forall i :: 0 <= i < |r| ==> r[i].0 < k
    ensures PutNum(r, k, v) == r + [(k, v)]
  {
    if r != [] {
      PutNumLast(r[1..], k, v);
      assert [r[0]] + (r[1..] + [(k, v)]) == r + [(k, v)];
    }
  }

  /** Lines that write the entries of an ascending record in order build
      that record. */
  lemma {:induction false} FillNumRoundTrip(entry: string -> Option<(nat, string)>, lines: seq<string>, r: NumRecord)
    requires |lines| == |r| && Ascending(r)
    requires forall k :: 0 <= k < |r| ==> entry(lines[k]) == Some(r[k])
    ensures FillNum(entry, lines) == r
  {
    if r != [] {
      var n := |r| - 1;
      var init := r[..n];
      assert FillNum(entry, lines[..n]) == init by {
        assert forall k :: 0 <= k < n ==> init[k] == r[k] && lines[..n][k] == lines[k];
        FillNumRoundTrip(entry, lines[..n], init);
      }
      PutNumLast(init, r[n].0, r[n].1);
      assert init + [r[n]] == r;
    }
  }

  /** No written family line holds a line break, and none starts or ends
      with white space. */
  lemma FamilyLineShape(t: nat, l: string)
    requires FamilyLabel(l)
    ensures var line := NatToString(t) + ": " + l;
            '\n' !in line && |line| > 0 && !IsJsSpace(line[0]) && !IsJsSpace(line[|line| - 1])
  {
    var a := NatToString(t);
    var line := a + ": " + l;
    assert '\n' !in a;
    assert '\n' !in l by {
      forall i | 0 <= i < |l|
        ensures l[i] != '\n'
      {
        assert !IsLineTerminator(l[i]);
      }
    }
    assert line[0] == a[0];
    DigitNotSpace(a[0]);
    assert line[|line| - 1] == l[|l| - 1];
  }

  /** Reading the family lines of an ascending record with surviving
      labels gives the record back. */
  lemma FamilyLinesRoundTrip(f: NumRecord)
    requires Ascending(f) && forall k :: 0 <= k < |f| ==> FamilyLabel(f[k].1)
    ensures FamiliesOf(TaskFormat.FamilyLines(f)) == f
  {
    var lines := TaskFormat.FamilyLines(f);
    forall k | 0 <= k < |f|
      ensures FamilyEntry(lines[k]) == Some(f[k])
    {
      FamilyLineEntry(f[k].0, f[k].1);
    }
    FillNumRoundTrip(FamilyEntry, lines, f);
  }

  /** The written families field splits back into its lines. */
  lemma FamiliesTextLines(f: NumRecord)
    requires |f| > 0 && forall k :: 0 <= k < |f| ==> FamilyLabel(f[k].1)
    ensures var text := Join(TaskFormat.FamilyLines(f), "\n");
            JsTrim(text) != "" && Split(JsTrim(text), '\n') == TaskFormat.FamilyLines(f)
  {
    var lines := TaskFormat.FamilyLines(f);
    forall k | 0 <= k < |f|
      ensures '\n' !in lines[k] && |lines[k]| > 0 && !IsJsSpace(lines[k][0]) && !IsJsSpace(lines[k][|lines[k]| - 1])
    {
      FamilyLineShape(f[k].0, f[k].1);
    }
    TrimmedLines(lines);
  }

  /** Round trip: the families field `formatTaskDataForDisplay` writes is
      read back by `parseFamilies` as the families, when there are some and
      every label is one that survives the trip. */
  lemma FamiliesRoundTrip(data: TaskSchedulingData)
    requires data.families.Some? ==>
      var f := data.families.value;
      |f| > 0 && Ascending(f) && forall k :: 0 <= k < |f| ==> FamilyLabel(f[k].1)
    ensures FamiliesText(TaskFormat.FormatTaskData(data).familiesString) == data.families
  {
    if data.families.Some? {
      FamiliesTextLines(data.families.value);
      FamilyLinesRoundTrip(data.families.value);
    } else {
      assert TaskFormat.FormatTaskData(data).familiesString == "";
    }
  }

  // The tasks field.

  const NoTaskError: string := "Adicione pelo menos uma tarefa"

  /** What `parseInt` reads from one trimmed comma-separated part. */
  function TaskValue(part: string): Option<int>
  {
    ParseInt(JsTrim(part))
  }

  /** The parts that `read` reads, in order, the others dropped. */
  function Readings(read: string -> Option<int>, parts: seq<string>): (ts: seq<int>)
    ensures |ts| <= |parts|
  {
    if parts == [] then []
    else
      var n := read(parts[|parts| - 1]);
      Readings(read, parts[..|parts| - 1]) + (if n.Some? then [n.value] else [])
  }

  /** No part of the tasks field is a number. */
  predicate NoTaskPart(parts: seq<string>)
  {
    forall k :: 0 <= k < |parts| ==> TaskValue(parts[k]).None?
  }

  /** The task list `onSubmit` reads from the tasks field (each part
      trimmed and read by `parseInt`, the parts that are not numbers
      dropped), or the error it raises when none is left. */
  function ParseTasks(tasksStr: string): Result<seq<int>, string>
  {
    var tasks := Readings(TaskValue, Split(tasksStr, ','));
    if |tasks| == 0 then Failure(NoTaskError) else Success(tasks)
  }

  /** Nothing is read exactly when no part reads. */
  lemma {:induction false} ReadingsEmpty(read: string -> Option<int>, parts: seq<string>)
    ensures |Readings(read, parts)| == 0 <==> forall k :: 0 <= k < |parts| ==> read(parts[k]).None?
  {
    if parts != [] {
      var init := parts[..|parts| - 1];
      ReadingsEmpty(read, init);
      assert forall k :: 0 <= k < |init| ==> init[k] == parts[k];
    }
  }

  /** The submission fails on its tasks exactly when no comma-separated part
      of the field is a number. */
  lemma ParseTasksFailure(tasksStr: string)
    ensures ParseTasks(tasksStr) == Failure(NoTaskError) <==> NoTaskPart(Split(tasksStr, ','))
    ensures ParseTasks(tasksStr).Success? ==> |ParseTasks(tasksStr).value| > 0
  {
    ReadingsEmpty(TaskValue, Split(tasksStr, ','));
  }

  /** Parts that each read as the matching value give the values. */
  lemma {:induction false} ReadingsAll(read: string -> Option<int>, parts: seq<string>, tasks: seq<int>)
    requires |parts| == |tasks| && forall k :: 0 <= k < |parts| ==> read(parts[k]) == Some(tasks[k])
    ensures Readings(read, parts) == tasks
  {
    if parts != [] {
      var n := |parts| - 1;
      assert forall k :: 0 <= k < n ==> parts[..n][k] == parts[k] && tasks[..n][k] == tasks[k];
      ReadingsAll(read, parts[..n], tasks[..n]);
      assert tasks[..n] + [tasks[n]] == tasks;
    }
  }

  /** `parseInt` reads back the rendering of any integer, and that
      rendering has no comma and no white space at its ends. */
  lemma IntTextValue(i: int)
    ensures ',' !in IntToString(i) && TaskValue(IntToString(i)) == Some(i)
  {
    var n: nat := if i < 0 then -i else i;
    var a := NatToString(n);
    NatToStringRoundTrip(n);
    assert ',' !in a && IsDigit(a[0]) && IsDigit(a[|a| - 1]);
    if i < 0 {
      assert IntToString(i) == "-" + a;
      NegativeTextValue(a);
    } else {
      assert IntToString(i) == a;
      TrimIdentity(a, JsSpace);
      ParseIntDigits(a);
    }
  }

  /** A minus sign before decimal digits reads as the negated value. */
  lemma NegativeTextValue(a: string)
    requires |a| > 0 && AllDigits(a)
    ensures TaskValue("-" + a) == Some(-(DigitsToNat(a) as int))
  {
    var t := "-" + a;
    assert JsTrim(t) == t by {
      assert IsDigit(a[|a| - 1]) && t[|t| - 1] == a[|a| - 1];
      TrimIdentity(t, JsSpace);
    }
    ParseIntNegative(a);
  }

  /** Round trip: the tasks field `formatTaskDataForDisplay` writes for a
      non-empty task list is read back by `onSubmit` as that list. */
  lemma TasksRoundTrip(data: TaskSchedulingData)
    requires |data.tasks| > 0
    ensures ParseTasks(TaskFormat.FormatTaskData(data).tasksString) == Success(data.tasks)
  {
    var parts := TaskFormat.TaskTexts(data.tasks);
    forall k | 0 <= k < |parts|
      ensures ',' !in parts[k] && TaskValue(parts[k]) == Some(data.tasks[k])
    {
      IntTextValue(data.tasks[k]);
    }
    SplitJoin(parts, ',');
    ReadingsAll(TaskValue, parts, data.tasks);
  }
}
